/** The playout cursor: which numbers it passes, and where it starts. */
module JitterPlayout {
  import opened Options
  import opened SerialNumbers
  import opened Jitter
  import opened JitterResults

  // ---- one playout epoch -------------------------------------------------------

  /** The highest number an epoch may hold so that its cursor cannot run past the wrap. */
  const LAST := MODULUS - 3

  /** Playing, with every frame at or after the cursor, within half the number space, and none next to the wrap. */
  predicate InEpoch(b: Buffer) {
    && b.nextSeq.Some? && b.nextSeq.value <= LAST + 2
    && forall k :: k in b.frames ==> b.nextSeq.value <= k <= LAST && k - b.nextSeq.value <= HALF
  }

  /** What stays in an epoch: a frame that is late, or lies ahead without crossing the wrap. */
  predicate StaysInEpoch(b: Buffer, op: Op) {
    match op
    case Push(frame, _) =>
      (match b.Place(frame.sequence)
       case Late => true
       case Restart => false
       case Fits => b.nextSeq.Some? && b.nextSeq.value <= frame.sequence <= LAST)
    case Pull => true
    case _ => false
  }

  /** How many numbers the cursor has passed, by the counters and what was played. */
  function Passed(x: Life): nat {
    |x.played| + x.b.stats.lost + x.b.stats.skipped + x.b.stats.trimmed + x.b.stats.capped
  }

  /** What a move of the cursor from `b` to `c` accounts for. */
  predicate Moved(b: Buffer, c: Buffer, played: nat) {
    && InEpoch(c) && b.nextSeq.Some? && b.nextSeq.value <= c.nextSeq.value
    && c.nextSeq.value - b.nextSeq.value ==
       played + (c.stats.lost - b.stats.lost) + (c.stats.skipped - b.stats.skipped)
       + (c.stats.trimmed - b.stats.trimmed) + (c.stats.capped - b.stats.capped)
  }

  lemma {:induction false} CapMoves(b: Buffer)
    requires InEpoch(b)
    ensures Moved(b, b.Capped(), 0)
    decreases |b.frames|
  {
    if |b.frames| > b.settings.HardLimit() {
      CapMoves(b.CapOne());
    }
  }

  lemma TrimMoves(b: Buffer)
    requires InEpoch(b)
    ensures Moved(b, b.Trimmed(), 0)
    ensures b.Trimmed().nextSeq.value <= LAST + 1 || b.Trimmed() == b.(pullsSinceTrim := b.Trimmed().pullsSinceTrim)
  {
  }

  lemma PlayMoves(b: Buffer)
    requires InEpoch(b) && b.nextSeq.value <= LAST + 1
    ensures var (c, pulled) := b.PlayNext();
            && Moved(b, c, if pulled.Played? then 1 else 0)
            && (pulled.Played? ==> b.nextSeq.value in b.frames && pulled.frame == b.frames[b.nextSeq.value])
  {
  }

  lemma PullMoves(b: Buffer)
    requires InEpoch(b)
    ensures var (c, pulled) := b.Pull();
            && Moved(b, c, if pulled.Played? then 1 else 0)
            && (pulled.Played? ==>
                  exists n :: b.nextSeq.value <= n < c.nextSeq.value && n in b.frames && pulled.frame == b.frames[n])
  {
    PullShape(b);
    if !Waits(b) {
      assert Going(b).nextSeq == b.nextSeq;
      TrimMoves(Going(b));
      TrimBalances(Going(b));
      assert b.nextSeq.value <= LAST by {
        var k :| k in b.frames;
      }
      hide Buffer.Trimmed, Buffer.Pull;
      PlayMoves(Going(b).Trimmed());
    }
  }

  lemma PushMoves(b: Buffer, frame: Frame, arrival: nat)
    requires b.settings.Usable() && InEpoch(b) && StaysInEpoch(b, Push(frame, arrival))
    ensures Moved(b, b.Push(frame, arrival), 0)
  {
    var h := b.Heard(frame.timestamp, arrival);
    if b.Place(frame.sequence) == Fits {
      CapMoves(h.Inserted(frame));
    }
  }

  predicate EpochRun(x: Life, ops: seq<Op>)
    requires x.b.settings.Usable()
  {
    ops != [] ==>
      && EpochRun(x, ops[..|ops| - 1])
      && StaysInEpoch(Run(x, ops[..|ops| - 1]).b, ops[|ops| - 1])
  }

  /** What the user has been given since `x`: increasing numbers the cursor has passed. */
  predicate GivenSince(x: Life, y: Life) {
    && x.played <= y.played && x.b.nextSeq.Some? && y.b.nextSeq.Some?
    && (forall i, j :: |x.played| <= i < j < |y.played| ==> y.played[i] < y.played[j])
    && forall i :: |x.played| <= i < |y.played| ==> x.b.nextSeq.value <= y.played[i] < y.b.nextSeq.value
  }

  lemma GivenMore(x: Life, w: Life, y: Life, n: u32)
    requires GivenSince(x, w) && y.played == w.played + [n]
    requires y.b.nextSeq.Some? && x.b.nextSeq.value <= w.b.nextSeq.value <= n < y.b.nextSeq.value
    ensures GivenSince(x, y)
  {
  }

  lemma GivenSame(x: Life, w: Life, y: Life)
    requires GivenSince(x, w) && y.played == w.played
    requires y.b.nextSeq.Some? && w.b.nextSeq.value <= y.b.nextSeq.value
    ensures GivenSince(x, y)
  {
  }

  lemma DoMoves(x: Life, w: Life, op: Op)
    requires w.b.settings.Usable() && InEpoch(w.b) && StaysInEpoch(w.b, op)
    requires Keyed(w.b)
    requires x.b.nextSeq.Some? && x.b.nextSeq.value <= w.b.nextSeq.value && GivenSince(x, w)
    ensures var y := Do(w, op);
            && InEpoch(y.b)
            && Keyed(y.b)
            && y.b.nextSeq.value - w.b.nextSeq.value == Passed(y) - Passed(w)
            && w.b.nextSeq.value <= y.b.nextSeq.value
            && GivenSince(x, y)
  {
    var y := Do(w, op);
    hide GivenSince;
    if op.Push? {
      PushMoves(w.b, op.frame, op.arrival);
      PushSequences(w.b, op.frame, op.arrival);
      PushBalances(w.b, op.frame, op.arrival);
      hide Buffer.Push;
      GivenSame(x, w, y);
    } else {
      PullMoves(w.b);
      PullBalances(w.b);
      hide Buffer.Pull;
      var pulled := w.b.Pull().1;
      if pulled.Played? {
        var n :| w.b.nextSeq.value <= n < y.b.nextSeq.value && n in w.b.frames && pulled.frame == w.b.frames[n];
        GivenMore(x, w, y, n);
      } else {
        GivenSame(x, w, y);
      }
    }
  }

  /**
   Within an epoch every number the cursor passes is counted exactly once, every buffered frame
   lies at or after the cursor, and what is played comes out in strictly increasing order.
   */
  lemma {:induction false} CursorCountsEachOnce(x: Life, ops: seq<Op>)
    requires x.b.settings.Usable() && InEpoch(x.b) && EpochRun(x, ops)
    requires Keyed(x.b)
    ensures var y := Run(x, ops);
            && InEpoch(y.b)
            && Keyed(y.b)
            && y.b.nextSeq.value - x.b.nextSeq.value == Passed(y) - Passed(x) >= 0
            && GivenSince(x, y)
  {
    if ops != [] {
      CursorCountsEachOnce(x, ops[..|ops| - 1]);
      hide Do, InEpoch, StaysInEpoch, Passed, GivenSince;
      DoMoves(x, Run(x, ops[..|ops| - 1]), ops[|ops| - 1]);
    }
  }

  lemma PushSequences(b: Buffer, frame: Frame, arrival: nat)
    requires b.settings.Usable() && Keyed(b)
    ensures Keyed(b.Push(frame, arrival))
  {
    var h := b.Heard(frame.timestamp, arrival);
    match b.Place(frame.sequence)
    case Late =>
    case Restart => CappedFacts(h.Cleared().(nextSeq := None, refilling := false).Inserted(frame));
    case Fits => CappedFacts(h.Inserted(frame));
  }

  // ---- from the start on ---------------------------------------------------------

  /** The cursor put on the first key, as the pull that begins an epoch puts it. */
  function Started(b: Buffer): Buffer
    requires b.frames != map[]
  {
    b.(nextSeq := Some(MinKey(b.frames.Keys)))
  }

  /** Not started, with enough to start on, and no frame beyond the epoch. */
  predicate CanStart(b: Buffer) {
    && b.nextSeq.None? && b.frames != map[] && !b.ShortOfTarget()
    && InEpoch(Started(b))
  }

  lemma StartIsAPull(b: Buffer)
    requires b.nextSeq.None? && b.frames != map[] && !b.ShortOfTarget()
    ensures b.Pull() == Started(b).Pull()
  {
    PullShape(b);
    PullShape(Started(b));
    hide Buffer.Pull;
    assert Going(b) == Going(Started(b));
  }

  lemma {:induction false} RunFromStart(x: Life, ops: seq<Op>)
    requires x.b.settings.Usable() && CanStart(x.b) && ops != [] && ops[0] == Pull
    ensures Run(x, ops) == Run(x.(b := Started(x.b)), ops)
  {
    var n := |ops| - 1;
    if n == 0 {
      StartIsAPull(x.b);
      assert ops[..0] == [];
    } else {
      hide Do, CanStart;
      RunFromStart(x, ops[..n]);
    }
  }

  /**
   A whole epoch, from the pull that starts playout: the numbers from the first key to the cursor are
   what was played, lost, skipped, trimmed and capped since, each counted once and the played ones in
   increasing order.
   */
  lemma EpochCountsEachOnce(x: Life, ops: seq<Op>)
    requires x.b.settings.Usable() && CanStart(x.b) && Keyed(x.b)
    requires ops != [] && ops[0] == Pull && EpochRun(x.(b := Started(x.b)), ops)
    ensures var y := Run(x, ops);
            && InEpoch(y.b) && Keyed(y.b)
            && y.b.nextSeq.value - MinKey(x.b.frames.Keys) == Passed(y) - Passed(x) >= 0
            && GivenSince(x.(b := Started(x.b)), y)
  {
    RunFromStart(x, ops);
    var s := x.(b := Started(x.b));
    assert Passed(s) == Passed(x) && Keyed(s.b);
    hide Run, EpochRun;
    CursorCountsEachOnce(s, ops);
  }

  // ---- where playout starts ----------------------------------------------------------

  /**
   The ordered map compares plain numbers, and the first pull may trim: playout starts with the
   oldest frame in stream order exactly when the frames held do not straddle the wrap and no trim is
   due on this pull. `oldest` comes before them all.
   */
  lemma StartsAtOldestIff(b: Buffer, oldest: u32)
    requires b.nextSeq.None? && !b.ShortOfTarget() && Keyed(b)
    requires oldest in b.frames && forall k :: k in b.frames ==> !IsSeqBefore(k, oldest)
    ensures b.Pull().1 == Played(b.frames[oldest]) <==>
            (forall k :: k in b.frames ==> oldest <= k) && !TrimsNow(b)
  {
    PullShape(b);
    var g, least := Going(b), MinKey(b.frames.Keys);
    hide Buffer.Pull, Buffer.ShortOfTarget;
    TrimBalances(g);
    TrimTakesTheLeast(g, oldest);
    TrimmedCursor(g);
    hide Buffer.Trimmed, Buffer.TrimDue;
    PlaysAtCursor(g.Trimmed());
    if least != oldest {
      assert !IsSeqBefore(least, oldest);
    }
  }

  lemma TrimmedCursor(b: Buffer)
    requires b.frames != map[] && b.nextSeq == Some(MinKey(b.frames.Keys))
    ensures var c := b.Trimmed();
            c.nextSeq == if MinKey(b.frames.Keys) in c.frames then b.nextSeq else Some(WrappingAddOne(b.nextSeq.value))
  {
  }

  lemma PlaysAtCursor(b: Buffer)
    requires b.nextSeq.Some?
    ensures b.PlayNext().1.Played? <==> b.nextSeq.value in b.frames
    ensures b.PlayNext().1.Played? ==> b.PlayNext().1.frame == b.frames[b.nextSeq.value]
  {
  }
}

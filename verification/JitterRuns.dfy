/**
 Runs of the transmit buffer, from its making on, in which what it is meant to do fails: each is
 given with its operations, packets on time throughout.
 */
module JitterRuns {
  import opened Options
  import opened SerialNumbers
  import opened Jitter
  import opened JitterDrain
  import opened JitterPlayout
  import opened JitterResults
  import opened JitterTarget

  /** `for_transmit` with the depths the server gives it. */
  const Transmit := Settings(2, 10, true, TransmitTuning)

  function Sent(number: u32, at: u32, ptt: bool): Frame {
    Frame(number, at, [], ptt, false)
  }

  function After(ops: seq<Op>): Buffer {
    Run(Start(Transmit), ops).b
  }

  lemma OneMore(ops: seq<Op>, op: Op)
    ensures After(ops + [op]) == Do(Run(Start(Transmit), ops), op).b
    ensures op.Push? ==> After(ops + [op]) == After(ops).Push(op.frame, op.arrival)
    ensures op.Pull? ==> After(ops + [op]) == After(ops).Pull().0
  {
    hide Buffer.Push, Buffer.Pull;
    assert (ops + [op])[..|ops|] == ops;
  }

  // ---- one operation on a line without jitter -----------------------------------------

  /** All packets up to `at` came on time. */
  predicate Calm(b: Buffer, at: u32) {
    b.settings == Transmit && b.target == 2 && b.line == Line(0.0, 0.0, Some(at), Some(at))
  }

  lemma CalmHeard(b: Buffer, before: u32, at: u32)
    requires Calm(b, before) && before < at < before + 1000
    ensures b.Heard(at, at) == b.(stats := b.stats.(received := b.stats.received + 1),
                                  line := Line(0.0, 0.0, Some(at), Some(at)))
  {
    assert OnTime(b, at, at);
    HeardOnTime(b, at, at);
    StillLine(b.line, Transmit.tuning.spikeDecayPackets);
    assert 0.0 / Transmit.tuning.msPerFrame == 0.0;
  }

  /** A packet on time that fits in is held, and nothing else changes. */
  lemma CalmPush(b: Buffer, before: u32, number: u32, at: u32, ptt: bool)
    requires Calm(b, before) && before < at < before + 1000 && b.Place(number) == Fits && |b.frames| < 20
    ensures var c := b.Push(Sent(number, at, ptt), at);
            && Calm(c, at)
            && c == b.(frames := b.frames[number := Sent(number, at, ptt)], stats := c.stats, line := c.line)
  {
    CalmHeard(b, before, at);
    hide Buffer.Heard;
    assert |b.frames[number := Sent(number, at, ptt)]| <= |b.frames| + 1;
  }

  lemma FirstPush(number: u32)
    ensures var b := After([Push(Sent(number, 0, true), 0)]);
            && Calm(b, 0)
            && b == Empty(Transmit).(frames := map[number := Sent(number, 0, true)], stats := b.stats, line := b.line)
  {
    OneMore([], Push(Sent(number, 0, true), 0));
    assert [] + [Push(Sent(number, 0, true), 0)] == [Push(Sent(number, 0, true), 0)];
  }

  lemma Least(keys: set<u32>, k: u32)
    requires k in keys && forall j :: j in keys ==> k <= j
    ensures MinKey(keys) == k
  {
  }

  /** Two frames held, the first of them next: it plays. */
  lemma PlaysFirstOfTwo(b: Buffer, k: u32, l: u32)
    requires b.settings == Transmit && b.target == 2 && !b.refilling && k < l && b.frames.Keys == {k, l}
    requires b.nextSeq.None? || b.nextSeq == Some(k)
    requires b.initialFill > 1 || b.pullsSinceTrim < 100
    ensures b.Pull() == (b.(frames := b.frames - {k}, nextSeq := Some(k + 1),
                            initialFill := if b.initialFill > 0 then b.initialFill - 1 else 0,
                            pullsSinceTrim := b.PullsNow()),
                         Played(b.frames[k]))
  {
    assert |b.frames| == |b.frames.Keys| == 2;
    Least(b.frames.Keys, k);
    PullShape(b);
  }

  /** One frame held and next to play; another comes on time, and the first one plays. */
  lemma PushThenPull(b: Buffer, before: u32, k: u32, l: u32, at: u32)
    requires Calm(b, before) && before < at < before + 1000 && k < l && b.Place(l) == Fits
    requires b.frames.Keys == {k} && !b.refilling && b.initialFill > 0 && b.pullsSinceTrim < 100
    requires b.nextSeq.None? || b.nextSeq == Some(k)
    ensures var c := b.Push(Sent(l, at, true), at).Pull().0;
            && Calm(c, at) && c.frames == map[l := Sent(l, at, true)] && c.nextSeq == Some(k + 1)
            && !c.refilling && c.initialFill == b.initialFill - 1 && c.pullsSinceTrim == b.pullsSinceTrim + 1
  {
    assert |b.frames| == |b.frames.Keys| == 1;
    CalmPush(b, before, l, at, true);
    var c := b.Push(Sent(l, at, true), at);
    hide Buffer.Push, Buffer.Place;
    assert c.frames.Keys == {k, l};
    PlaysFirstOfTwo(c, k, l);
    hide Buffer.Pull;
    assert c.frames - {k} == map[l := Sent(l, at, true)];
  }

  // ---- a stream, and a burst after it ---------------------------------------------------

  /** One frame in hand and next to play, after `n` pulls of a stream that began with `first`. */
  predicate Streaming(b: Buffer, first: u32, n: nat)
    requires n <= 25 && first + n < MODULUS
  {
    && Calm(b, 20 * n) && !b.refilling && b.initialFill == 25 - n && b.pullsSinceTrim == n
    && b.nextSeq == Some(first + n) && b.frames == map[first + n := Sent(first + n, 20 * n, true)]
  }

  lemma StreamStarts(first: u32) returns (ops: seq<Op>)
    requires first + 1 < MODULUS
    ensures Streaming(After(ops), first, 1)
  {
    var push, more := Push(Sent(first, 0, true), 0), Push(Sent(first + 1, 20, true), 20);
    FirstPush(first);
    hide Run, Buffer.Push, Buffer.Pull;
    PushThenPull(After([push]), 0, first, first + 1, 20);
    hide After;
    OneMore([push], more);
    OneMore([push] + [more], Op.Pull);
    ops := [push] + [more] + [Op.Pull];
  }

  lemma StreamGoesOn(b: Buffer, first: u32, n: nat)
    requires 1 <= n < 25 && first + n + 1 < MODULUS && Streaming(b, first, n)
    ensures Streaming(b.Push(Sent(first + n + 1, 20 * (n + 1), true), 20 * (n + 1)).Pull().0, first, n + 1)
  {
    hide Buffer.Push, Buffer.Pull;
    PushThenPull(b, 20 * n, first + n, first + n + 1, 20 * (n + 1));
  }

  /** A packet and a pull in turn, until the grace period is over. */
  lemma {:induction false} Streamed(first: u32, n: nat) returns (ops: seq<Op>)
    requires 1 <= n <= 25 && first + n < MODULUS
    ensures Streaming(After(ops), first, n)
  {
    if n == 1 {
      ops := StreamStarts(first);
    } else {
      hide *;
      var m: nat := n - 1;
      var before := Streamed(first, m);
      var push := Push(Sent(first + m + 1, 20 * (m + 1), true), 20 * (m + 1));
      StreamGoesOn(After(before), first, m);
      OneMore(before, push);
      ops := before + [push];
      OneMore(ops, Op.Pull);
      ops := ops + [Op.Pull];
    }
  }

  /** Nothing played since the stream was discarded, and `m` frames of what comes next held. */
  ghost predicate Bursting(b: Buffer, first: u32, m: nat)
    requires m <= 20 && first + 26 + m <= MODULUS
  {
    && Calm(b, 20 * (25 + m)) && b.nextSeq.None? && !b.refilling && b.initialFill == 0 && b.pullsSinceTrim == 25
    && |b.frames| == m
    && (forall k :: k in b.frames <==> first + 26 <= k < first + 26 + m)
    && forall k :: k in b.frames ==> b.frames[k] == Sent(k, 20 * (k - first), true)
  }

  /** The stream discarded, and the next frames held back unplayed. */
  lemma {:induction false} Bursted(first: u32, m: nat) returns (ops: seq<Op>)
    requires m <= 20 && first + 26 + m <= MODULUS
    ensures Bursting(After(ops), first, m)
  {
    if m == 0 {
      var before := Streamed(first, 25);
      OneMore(before, Op.Discard);
      ops := before + [Op.Discard];
    } else {
      hide Bursting, After, Buffer.Push;
      var before := Bursted(first, m - 1);
      var at := 20 * (25 + m);
      var push := Push(Sent(first + 25 + m, at, true), at);
      OneMore(before, push);
      BurstGoesOn(After(before), first, m);
      ops := before + [push];
    }
  }

  lemma BurstGoesOn(b: Buffer, first: u32, m: nat)
    requires 1 <= m <= 20 && first + 26 + m <= MODULUS && Bursting(b, first, m - 1)
    ensures Bursting(b.Push(Sent(first + 25 + m, 20 * (25 + m), true), 20 * (25 + m)), first, m)
  {
    CalmPush(b, 20 * (24 + m), first + 25 + m, 20 * (25 + m), true);
    hide Buffer.Push;
  }

  // ---- where playout starts --------------------------------------------------------------

  /** Without any wrap: of a burst after the grace period the oldest frame is trimmed, not played. */
  lemma StartTrimsTheOldest() returns (ops: seq<Op>)
    ensures var b := After(ops);
            && b.nextSeq.None? && !b.ShortOfTarget() && Keyed(b) && 26 in b.frames
            && (forall k :: k in b.frames ==> 26 <= k < HALF)
            && b.Pull().1 != Played(b.frames[26])
  {
    ops := Bursted(0, 11);
    hide Run, Buffer.Pull;
    var b := After(ops);
    assert TrimsNow(b);
    StartsAtOldestIff(b, 26);
  }

  /** Across the wrap: of two frames the later one is played first. */
  lemma StartsBehindTheWrap() returns (ops: seq<Op>)
    ensures var b := After(ops);
            && b.nextSeq.None? && b.frames.Keys == {0, MODULUS - 1} && IsSeqBefore(MODULUS - 1, 0)
            && b.Pull().1 == Played(b.frames[0])
  {
    var push, more := Push(Sent(MODULUS - 1, 0, true), 0), Push(Sent(0, 20, true), 20);
    FirstPush(MODULUS - 1);
    OneMore([push], more);
    CalmPush(After([push]), 0, 0, 20, true);
    hide Buffer.Push;
    ops := [push] + [more];
    PlaysFirstOfTwo(After(ops), 0, MODULUS - 1);
  }

  // ---- what the cursor counts -------------------------------------------------------------

  /** Across the wrap a jump to the first key passes a frame that is still held, and counts it as skipped. */
  lemma JumpPassesAHeldFrame() returns (ops: seq<Op>)
    ensures var b := After(ops);
            var c := After(ops + [Op.Pull]);
            && b.nextSeq == Some(MODULUS - 2) && b.frames.Keys == {20, MODULUS - 1}
            && (forall k :: k in b.frames ==> !IsSeqBefore(k, MODULUS - 2))
            && c.nextSeq == Some(20) && c.frames == b.frames && IsSeqBefore(MODULUS - 1, 20)
            && c.stats.skipped - b.stats.skipped == 22
  {
    ops := UpToTheGap();
    var b := After(ops);
    OneMore(ops, Op.Pull);
    hide Run;
    assert |b.frames| == |b.frames.Keys| == 2;
    Least(b.frames.Keys, 20);
    PullShape(b);
  }

  /** The frame at the cursor played, the next one missing, the one behind it held. */
  predicate BeforeTheGap(b: Buffer) {
    && Calm(b, 40) && b.nextSeq == Some(MODULUS - 2) && b.frames.Keys == {MODULUS - 1}
    && !b.refilling && b.initialFill == 24
  }

  lemma UpToTheGap() returns (ops: seq<Op>)
    ensures var b := After(ops);
            && Calm(b, 460) && b.nextSeq == Some(MODULUS - 2) && b.frames.Keys == {20, MODULUS - 1}
            && !b.refilling && b.initialFill == 24
  {
    hide After, Buffer.Push;
    var playing := UpToTheCursor();
    var last := Push(Sent(20, 460, true), 460);
    OneMore(playing, last);
    CalmPush(After(playing), 40, 20, 460, true);
    ops := playing + [last];
  }

  lemma UpToTheCursor() returns (ops: seq<Op>)
    ensures BeforeTheGap(After(ops))
  {
    var push, more := Push(Sent(MODULUS - 3, 0, true), 0), Push(Sent(MODULUS - 1, 40, true), 40);
    FirstPush(MODULUS - 3);
    hide Run, Buffer.Push, Buffer.Pull;
    PushThenPull(After([push]), 0, MODULUS - 3, MODULUS - 1, 40);
    hide After;
    OneMore([push], more);
    OneMore([push] + [more], Op.Pull);
    ops := [push] + [more] + [Op.Pull];
  }

  // ---- the end of a transmission ------------------------------------------------------------

  /**
   A transmission held back until its end, which is the first frame behind the wrap: newest of all in
   the stream, first in the map, and trimmed - it never plays.
   */
  lemma ReleaseLostAcrossTheWrap() returns (ops: seq<Op>)
    ensures var b := After(ops);
            && HoldsRelease(b, 0) && |b.frames| == 12
            && (forall k :: k in b.frames && k != 0 ==> IsSeqBefore(k, 0))
            && forall k: nat :: !PlaysAt(b, 0, k)
  {
    var before := Bursted(MODULUS - 37, 11);
    var release := Push(Sent(0, 740, false), 740);
    OneMore(before, release);
    hide Run, Buffer.Push, After;
    ops := before + [release];
    ReleaseBehindBurst(After(before));
  }

  lemma ReleaseBehindBurst(burst: Buffer)
    requires Bursting(burst, MODULUS - 37, 11)
    ensures var b := burst.Push(Sent(0, 740, false), 740);
            && HoldsRelease(b, 0) && |b.frames| == 12
            && (forall k :: k in b.frames && k != 0 ==> IsSeqBefore(k, 0))
            && forall k: nat :: !PlaysAt(b, 0, k)
  {
    CalmPush(burst, 720, 0, 740, false);
    var b := burst.Push(Sent(0, 740, false), 740);
    hide Buffer.Push;
    assert 0 in b.frames.Keys && |b.frames| == 12;
    Least(b.frames.Keys, 0);
    assert TrimsNow(b);
    assert HoldsRelease(b, 0) && Keyed(b);
    hide Bursting, Calm, TrimsNow, HoldsRelease, Keyed, PlaysAt;
    StartingReleasePlaysIff(b, 0);
  }
}

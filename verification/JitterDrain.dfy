/** The way out of a jitter buffer that nothing more arrives in, and the end of a transmission. */
module JitterDrain {
  import opened Collections
  import opened Options
  import opened SerialNumbers
  import opened Jitter
  import opened JitterPacing
  import opened JitterResults

  /** The buffer after `n` pulls with no arrivals between them. */
  function PullMany(b: Buffer, n: nat): Buffer
    decreases n
  {
    if n == 0 then b else PullMany(b.Pull().0, n - 1)
  }

  predicate EmptyAt(b: Buffer, n: nat) {
    PullMany(b, n).frames == map[]
  }

  // ---- the pulls it takes --------------------------------------------------------

  /** Playing, or able to start: what is in the buffer is enough to go on with. */
  predicate CanGo(b: Buffer) {
    b.nextSeq.None? || b.refilling ==> !b.ShortOfTarget()
  }

  /** Numbers from the cursor to the first key, counted with wrap; none before the start. */
  function Gap(b: Buffer): nat
    requires b.frames != map[]
  {
    if b.nextSeq.None? then 0 else WrappingSub(MinKey(b.frames.Keys), b.nextSeq.value)
  }

  /** Pulls a gap costs: one per missing number and one to play, or one jump and one to play. */
  function GapCost(gap: nat, maxDepth: nat): (cost: nat)
    ensures 1 <= cost <= maxDepth + 2
  {
    if gap > maxDepth then 2 else gap + 1
  }

  /** The gap ahead at its cost, and every further frame at the highest a gap can cost. */
  function PullsLeft(b: Buffer): nat {
    if b.frames == map[] then 0
    else Times(|b.frames| - 1, b.settings.maxDepth + 2) + GapCost(Gap(b), b.settings.maxDepth)
  }

  function Times(n: nat, m: nat): nat {
    n * m
  }

  lemma PullsLeftBound(b: Buffer)
    ensures PullsLeft(b) <= Times(|b.frames|, b.settings.maxDepth + 2)
  {
    if b.frames != map[] {
      TimesGrows(|b.frames| - 1, |b.frames|, b.settings.maxDepth + 2);
    }
  }

  lemma TimesGrows(n: nat, more: nat, m: nat)
    requires n <= more
    ensures Times(n, m) <= Times(more, m)
    ensures more == n + 1 ==> Times(more, m) == Times(n, m) + m
  {
    assert (more - n) * m >= 0;
    assert more * m == n * m + (more - n) * m;
  }

  /** A frame that leaves pays for whatever gap comes to stand behind it. */
  lemma FewerIsSooner(b: Buffer, c: Buffer)
    requires c.settings == b.settings && |c.frames| < |b.frames|
    ensures PullsLeft(c) < PullsLeft(b)
  {
    PullsLeftBound(c);
    TimesGrows(|c.frames|, |b.frames| - 1, b.settings.maxDepth + 2);
    hide Times;
  }

  lemma PlayIsSooner(b: Buffer)
    requires b.nextSeq.Some?
    ensures var c := b.PlayNext().0;
            && c.nextSeq.Some? && c.refilling == b.refilling && c.settings == b.settings
            && (if b.frames == map[] then c.frames == map[] else PullsLeft(c) < PullsLeft(b))
  {
    PlayBalances(b);
    var (c, pulled) := b.PlayNext();
    if pulled.Played? {
      FewerIsSooner(b, c);
    }
  }

  lemma TrimIsNotLater(b: Buffer)
    requires b.frames != map[]
    ensures var c := b.Trimmed();
            && PullsLeft(c) <= PullsLeft(b) && (c.frames == map[] ==> PullsLeft(c) < PullsLeft(b))
            && c.refilling == b.refilling && c.settings == b.settings
  {
    TrimBalances(b);
    if b.Trimmed().stats.trimmed > b.stats.trimmed {
      FewerIsSooner(b, b.Trimmed());
    }
  }

  /** Every pull of a buffer that can go takes something off, whether it plays, trims, jumps or loses. */
  lemma PullIsSooner(b: Buffer)
    requires CanGo(b) && b.frames != map[]
    ensures var c := b.Pull().0;
            CanGo(c) && c.nextSeq.Some? && !c.refilling && PullsLeft(c) < PullsLeft(b)
  {
    PullShape(b);
    var g := Going(b);
    assert g.nextSeq.Some? && !g.refilling && PullsLeft(g) == PullsLeft(b);
    hide Buffer.Pull, Buffer.ShortOfTarget;
    TrimBalances(g);
    TrimIsNotLater(g);
    hide Buffer.Trimmed, PullsLeft, Buffer.PlayNext;
    PlayIsSooner(g.Trimmed());
  }

  lemma {:induction false} EmptyStaysEmpty(b: Buffer, n: nat)
    requires b.frames == map[]
    ensures EmptyAt(b, n)
    decreases n
  {
    if n > 0 {
      PullShape(b);
      EmptyStaysEmpty(b.Pull().0, n - 1);
    }
  }

  lemma {:induction false} EmptyAfter(b: Buffer, n: nat)
    requires CanGo(b) && n >= PullsLeft(b)
    ensures EmptyAt(b, n)
    decreases n
  {
    if b.frames == map[] {
      EmptyStaysEmpty(b, n);
    } else {
      hide Buffer.Pull, CanGo, Times, GapCost, Gap;
      PullIsSooner(b);
      hide PullsLeft;
      EmptyAfter(b.Pull().0, n - 1);
    }
  }

  /**
   With no more arrivals a buffer that is playing, or has enough to start, is empty after at most
   its depth times `max_depth` + 2 pulls - whatever the gaps, trims and jumps, and wherever in the
   number space its cursor and its frames lie.
   */
  lemma DrainsInTime(b: Buffer)
    requires CanGo(b)
    ensures EmptyAt(b, |b.frames| * (b.settings.maxDepth + 2))
  {
    PullsLeftBound(b);
    EmptyAfter(b, |b.frames| * (b.settings.maxDepth + 2));
  }

  lemma {:induction false} WaitsForEver(b: Buffer, n: nat)
    requires b.frames != map[] && !CanGo(b)
    ensures PullMany(b, n) == b
    decreases n
  {
    if n > 0 {
      WaitsForTargetIff(b);
      hide Buffer.Pull;
      WaitsForEver(b, n - 1);
    }
  }

  /** It ever empties, and then within that many pulls, exactly when it holds nothing or can go. */
  lemma DrainsIff(b: Buffer)
    ensures (exists n: nat :: EmptyAt(b, n)) <==> b.frames == map[] || CanGo(b)
    ensures EmptyAt(b, |b.frames| * (b.settings.maxDepth + 2)) <==> b.frames == map[] || CanGo(b)
  {
    if b.frames == map[] {
      assert EmptyAt(b, 0);
    } else if CanGo(b) {
      DrainsInTime(b);
    } else {
      forall n: nat
        ensures !EmptyAt(b, n)
      {
        WaitsForEver(b, n);
      }
    }
  }

  // ---- the end of a transmission -----------------------------------------------------

  /** The pull after `n` others hands the frame over. */
  predicate PlaysAt(b: Buffer, k: u32, n: nat) {
    k in b.frames && PullMany(b, n).Pull().1 == Played(b.frames[k])
  }

  /** The pull after `n` others trims it away. */
  predicate TakenAt(b: Buffer, k: u32, n: nat) {
    TakenByTrim(PullMany(b, n), k)
  }

  /** A pull takes the frame out unplayed. */
  predicate TakenByTrim(b: Buffer, k: u32) {
    !Waits(b) && TrimsNow(b) && k in b.frames && MinKey(b.frames.Keys) == k
  }

  /** A frame leaves by being played, or unplayed on the one pull that finds it first in the map with a trim due. */
  lemma LeavesUnplayedIff(b: Buffer, k: u32)
    requires k in b.frames && Keyed(b)
    ensures k !in b.Pull().0.frames && b.Pull().1 != Played(b.frames[k]) <==> TakenByTrim(b, k)
    ensures k in b.Pull().0.frames ==> b.Pull().1 != Played(b.frames[k])
  {
    PullShape(b);
    if !Waits(b) {
      var g := Going(b);
      hide Buffer.Pull, Waits;
      TrimBalances(g);
      TrimTakesTheLeast(g, k);
      hide Buffer.Trimmed, Buffer.TrimDue;
      assert Keyed(g.Trimmed());
      PlayKeepsOthers(g.Trimmed(), k);
    }
  }

  /** The end of a transmission, held by a transmit buffer. */
  predicate HoldsRelease(b: Buffer, r: u32) {
    b.settings.endsWithRelease && r in b.frames && !b.frames[r].ptt
  }

  /** The count of pulls does not come to the slow trim before the buffer is empty. */
  predicate SlowTrimFar(b: Buffer) {
    b.pullsSinceTrim + PullsLeft(b) + 1 < b.settings.tuning.trimEveryPulls
  }

  /** How many frames a trim leaves alone, by the slow one if that can still come and by the fast one if not. */
  function Spared(b: Buffer): int {
    var t := b.settings.tuning;
    b.target + t.trimAboveTarget + if SlowTrimFar(b) || t.fastTrimAbove < 0 then t.fastTrimAbove else 0
  }

  /** In the transmit buffer of the server ten frames at its lowest target. */
  lemma TransmitSpares(b: Buffer)
    requires b.settings.tuning == TransmitTuning && b.target == 2 && SlowTrimFar(b)
    ensures Spared(b) == 10
  {
  }

  /** So few frames from `r` on that no trim is due any more by the time `r` is the first. */
  predicate OutOfReach(b: Buffer, r: u32) {
    |FromOn(b.frames, r)| <= Spared(b)
  }

  lemma PullCountsOne(b: Buffer)
    ensures b.Pull().0.pullsSinceTrim <= (b.pullsSinceTrim as nat) + 1
    ensures !Waits(b) ==> b.Pull().0.initialFill == if b.initialFill > 0 then b.initialFill - 1 else 0
  {
    hide MinKey, WrappingSub;
  }

  lemma PullKeepsFar(b: Buffer)
    requires CanGo(b) && b.frames != map[] && SlowTrimFar(b)
    ensures SlowTrimFar(b.Pull().0)
  {
    hide Buffer.Pull, PullsLeft;
    PullIsSooner(b);
    PullCountsOne(b);
    PullBalances(b);
  }

  /** The trim does not take a frame out of its reach. */
  lemma TrimSparesRelease(b: Buffer, r: u32)
    requires r in b.frames && OutOfReach(b, r)
    ensures !TakenByTrim(b, r)
  {
    hide PullsLeft;
    if MinKey(b.frames.Keys) == r {
      AllFromOn(b.frames, r);
    }
  }

  lemma PullKeepsRelease(b: Buffer, r: u32)
    requires HoldsRelease(b, r) && OutOfReach(b, r) && Keyed(b) && b.Pull().1 != Played(b.frames[r])
    ensures var c := b.Pull().0;
            HoldsRelease(c, r) && OutOfReach(c, r) && Keyed(c) && c.frames[r] == b.frames[r]
  {
    TrimSparesRelease(b, r);
    LeavesUnplayedIff(b, r);
    PullBalances(b);
    PullLine(b);
    hide Buffer.Pull, TakenByTrim, PullsLeft;
    SubsetSize(FromOn(b.Pull().0.frames, r), FromOn(b.frames, r));
    if SlowTrimFar(b) {
      PullKeepsFar(b);
    }
  }

  /**
   The end of a transmission plays: with no more arrivals that very frame comes out within depth
   times `max_depth` + 2 pulls - refilling, not yet started, or below the target, and wherever in
   the number space the cursor lies - when few enough frames come behind it in the map.
   */
  lemma ReleasePlays(b: Buffer, r: u32) returns (k: nat)
    requires HoldsRelease(b, r) && OutOfReach(b, r) && Keyed(b)
    ensures k < |b.frames| * (b.settings.maxDepth + 2)
    ensures PlaysAt(b, r, k)
  {
    k := ReleasePlaysIn(b, r);
    PullsLeftBound(b);
  }

  lemma {:induction false} ReleasePlaysIn(b: Buffer, r: u32) returns (k: nat)
    requires HoldsRelease(b, r) && OutOfReach(b, r) && Keyed(b)
    ensures k < PullsLeft(b)
    ensures PlaysAt(b, r, k)
    decreases PullsLeft(b)
  {
    hide Buffer.Pull, PullsLeft, OutOfReach, Keyed;
    PullIsSooner(b);
    if b.Pull().1 == Played(b.frames[r]) {
      k := 0;
    } else {
      PullKeepsRelease(b, r);
      k := ReleasePlaysIn(b.Pull().0, r);
      k := k + 1;
    }
  }

  /** So it does whenever it is the last frame in the map, under any trim that spares a single frame. */
  lemma LastReleasePlays(b: Buffer, newest: u32) returns (k: nat)
    requires HoldsRelease(b, newest) && Keyed(b) && forall k :: k in b.frames ==> k <= newest
    requires b.settings.tuning.trimAboveTarget >= 1 && b.settings.tuning.fastTrimAbove >= 0
    ensures k < |b.frames| * (b.settings.maxDepth + 2)
    ensures PlaysAt(b, newest, k)
  {
    assert FromOn(b.frames, newest) == {newest};
    k := ReleasePlays(b, newest);
  }

  // ---- a release across the wrap -------------------------------------------------------

  lemma {:induction false} GoneStaysGone(b: Buffer, k: u32, n: nat)
    requires k !in b.frames && Keyed(b)
    ensures PullMany(b, n).Pull().1.Played? ==> PullMany(b, n).Pull().1.frame.sequence != k
    decreases n
  {
    PullBalances(b);
    if n == 0 {
      PlayedWasHeld(b);
    } else {
      hide Buffer.Pull;
      GoneStaysGone(b.Pull().0, k, n - 1);
    }
  }

  lemma PlayedWasHeld(b: Buffer)
    requires Keyed(b)
    ensures var pulled := b.Pull().1;
            pulled.Played? ==> pulled.frame.sequence in b.frames && b.frames[pulled.frame.sequence] == pulled.frame
  {
    PullShape(b);
    if !Waits(b) {
      hide Buffer.Pull, Waits;
      TrimBalances(Going(b));
      hide Buffer.Trimmed;
      PlayKeepsOthers(Going(b).Trimmed(), 0);
    }
  }

  /** One pull, and one frame that the buffer holds. */
  lemma PullAndFrame(b: Buffer, r: u32)
    requires r in b.frames && Keyed(b)
    ensures var (c, pulled) := b.Pull();
            && Keyed(c)
            && (if r in c.frames
                then c.frames[r] == b.frames[r] && pulled != Played(b.frames[r]) && !TakenByTrim(b, r)
                else (pulled == Played(b.frames[r]) <==> !TakenByTrim(b, r)))
  {
    LeavesUnplayedIff(b, r);
    PullBalances(b);
    PlayedWasHeld(b);
    hide Buffer.Pull, TakenByTrim;
    if TakenByTrim(b, r) {
      TakenIsGone(b, r);
    }
  }

  lemma TakenIsGone(b: Buffer, r: u32)
    requires r in b.frames && Keyed(b) && TakenByTrim(b, r)
    ensures r !in b.Pull().0.frames
  {
    LeavesUnplayedIff(b, r);
  }

  /** One way or the other a release leaves within the drain bound. */
  lemma {:induction false} ReleaseLeaves(b: Buffer, r: u32) returns (k: nat)
    requires HoldsRelease(b, r) && Keyed(b)
    ensures k < PullsLeft(b) && (PlaysAt(b, r, k) || TakenAt(b, r, k))
    decreases PullsLeft(b)
  {
    hide Buffer.Pull, PullsLeft, TakenByTrim, Keyed;
    PullAndFrame(b, r);
    PullIsSooner(b);
    PullBalances(b);
    if r in b.Pull().0.frames {
      k := ReleaseLeaves(b.Pull().0, r);
      k := k + 1;
    } else {
      k := 0;
    }
  }

  /** A later pull is an earlier one of the buffer one pull on; and what has left leaves no more. */
  lemma OnePullOn(b: Buffer, r: u32, n: nat)
    requires r in b.frames && Keyed(b) && n > 0
    ensures var c := b.Pull().0;
            if r in c.frames
            then (PlaysAt(b, r, n) <==> PlaysAt(c, r, n - 1)) && (TakenAt(b, r, n) <==> TakenAt(c, r, n - 1))
            else !PlaysAt(b, r, n) && !TakenAt(b, r, n)
  {
    hide Buffer.Pull, TakenByTrim;
    assert PullMany(b, n) == PullMany(b.Pull().0, n - 1);
    hide PullMany;
    PullAndFrame(b, r);
    if r !in b.Pull().0.frames {
      GoneStaysGone(b.Pull().0, r, n - 1);
      StaysOut(b.Pull().0, r, n - 1);
      TakenWasHeld(PullMany(b, n), r);
    }
  }

  /** Once it has left one way it never leaves the other. */
  lemma {:induction false} LeavesOnce(b: Buffer, r: u32, i: nat, j: nat)
    requires r in b.frames && Keyed(b) && PlaysAt(b, r, i)
    ensures !TakenAt(b, r, j)
    decreases i, j
  {
    PullAndFrame(b, r);
    if i > 0 {
      OnePullOn(b, r, i);
    }
    if j > 0 {
      OnePullOn(b, r, j);
    }
    hide Buffer.Pull, TakenByTrim, Keyed;
    if i > 0 && j > 0 {
      LeavesOnce(b.Pull().0, r, i - 1, j - 1);
    }
  }

  lemma TakenWasHeld(b: Buffer, r: u32)
    ensures TakenByTrim(b, r) ==> r in b.frames
  {
  }

  lemma {:induction false} StaysOut(b: Buffer, r: u32, n: nat)
    requires r !in b.frames
    ensures r !in PullMany(b, n).frames
    decreases n
  {
    if n > 0 {
      PullBalances(b);
      hide Buffer.Pull;
      StaysOut(b.Pull().0, r, n - 1);
    }
  }

  /** A release plays, and within the drain bound, exactly when no pull finds it first in the map with a trim due. */
  lemma ReleasePlaysIff(b: Buffer, r: u32)
    requires HoldsRelease(b, r) && Keyed(b)
    ensures (exists k: nat :: PlaysAt(b, r, k)) <==>
            forall j: nat :: !TakenAt(b, r, j)
  {
    hide Buffer.Pull, TakenByTrim;
    var k := ReleaseLeaves(b, r);
    if exists i: nat :: PlaysAt(b, r, i) {
      var i: nat :| PlaysAt(b, r, i);
      forall j: nat
        ensures !TakenAt(b, r, j)
      {
        LeavesOnce(b, r, i, j);
      }
    }
  }

  function GraceLeft(b: Buffer): nat {
    if b.initialFill > 0 then b.initialFill - 1 else 0
  }

  /**
   A release that stands first in the map - as it does when it came after the wrap and all else
   before it - wherever the cursor is, and with no slow trim to come: it plays exactly when the first
   pull past the grace period does not trim it. With the grace period over, that is exactly when the
   frames held are no more than the fast trim leaves alone.
   */
  lemma {:induction false} FirstReleasePlaysIff(b: Buffer, r: u32)
    requires HoldsRelease(b, r) && Keyed(b) && MinKey(b.frames.Keys) == r && SlowTrimFar(b)
    ensures (exists k: nat :: PlaysAt(b, r, k)) <==> !TakenAt(b, r, GraceLeft(b))
    ensures b.initialFill <= 1 ==>
              ((exists k: nat :: PlaysAt(b, r, k)) <==>
               |b.frames| <= b.target + b.settings.tuning.trimAboveTarget + b.settings.tuning.fastTrimAbove)
    decreases b.initialFill
  {
    if b.initialFill <= 1 {
      PastGracePlaysIff(b, r);
    } else {
      PullInGrace(b, r);
      hide Buffer.Pull, TakenAt, PlaysAt, SlowTrimFar, Keyed, HoldsRelease;
      if r in b.Pull().0.frames {
        FirstReleasePlaysIff(b.Pull().0, r);
      }
    }
  }

  lemma PullInGrace(b: Buffer, r: u32)
    requires HoldsRelease(b, r) && Keyed(b) && MinKey(b.frames.Keys) == r && SlowTrimFar(b) && b.initialFill > 1
    ensures var c := b.Pull().0;
            if r in c.frames
            then HoldsRelease(c, r) && Keyed(c) && MinKey(c.frames.Keys) == r && SlowTrimFar(c)
                 && c.initialFill == b.initialFill - 1
                 && (TakenAt(b, r, GraceLeft(b)) <==> TakenAt(c, r, GraceLeft(c)))
                 && ((exists k: nat :: PlaysAt(b, r, k)) <==> exists k: nat :: PlaysAt(c, r, k))
            else PlaysAt(b, r, 0) && !TakenAt(b, r, GraceLeft(b))
  {
    assert !TakenByTrim(b, r);
    FirstStaysFirst(b, r);
    assert CanGo(b);
    hide Buffer.Pull, TakenByTrim, PullsLeft;
    PullKeepsFar(b);
    PullAndFrame(b, r);
    hide SlowTrimFar, Keyed;
    OnePullOn(b, r, GraceLeft(b));
    if r in b.Pull().0.frames {
      PlaysOnePullOn(b, r);
    }
  }

  lemma PlaysOnePullOn(b: Buffer, r: u32)
    requires r in b.frames && Keyed(b) && r in b.Pull().0.frames
    ensures (exists k: nat :: PlaysAt(b, r, k)) <==> exists k: nat :: PlaysAt(b.Pull().0, r, k)
  {
    PullAndFrame(b, r);
    forall k: nat | k > 0 {
      OnePullOn(b, r, k);
    }
    hide Buffer.Pull, TakenByTrim;
    assert !PlaysAt(b, r, 0);
    forall k: nat
      ensures PlaysAt(b.Pull().0, r, k) <==> PlaysAt(b, r, k + 1)
    {
    }
    if k: nat :| PlaysAt(b, r, k) {
      assert PlaysAt(b.Pull().0, r, k - 1);
    }
  }

  lemma FirstStaysFirst(b: Buffer, r: u32)
    requires HoldsRelease(b, r) && MinKey(b.frames.Keys) == r && b.initialFill > 0
    ensures var c := b.Pull().0;
            && c.initialFill == b.initialFill - 1
            && (r in c.frames ==> HoldsRelease(c, r) && MinKey(c.frames.Keys) == r)
  {
    PullBalances(b);
    PullCountsOne(b);
    assert !Waits(b);
    hide Buffer.Pull, Waits;
  }

  lemma PastGracePlaysIff(b: Buffer, r: u32)
    requires HoldsRelease(b, r) && Keyed(b) && MinKey(b.frames.Keys) == r && SlowTrimFar(b) && b.initialFill <= 1
    ensures (exists k: nat :: PlaysAt(b, r, k)) <==> !TakenAt(b, r, 0)
    ensures (exists k: nat :: PlaysAt(b, r, k)) <==>
            |b.frames| <= b.target + b.settings.tuning.trimAboveTarget + b.settings.tuning.fastTrimAbove
  {
    assert !Waits(b) && (TakenByTrim(b, r) <==> TrimsNow(b));
    assert TrimsNow(b) <==>
           |b.frames| > b.target + b.settings.tuning.trimAboveTarget + b.settings.tuning.fastTrimAbove;
    AllFromOn(b.frames, r);
    hide Buffer.Pull, TrimsNow, TakenByTrim, Waits, PullsLeft;
    if TakenByTrim(b, r) {
      forall k: nat
        ensures !PlaysAt(b, r, k)
      {
        TrimmedIsLost(b, r, k);
      }
    } else {
      var k := ReleasePlays(b, r);
      assert PlaysAt(b, r, k);
    }
  }

  /** With playout yet to start, or about to play it, a release first in the map plays exactly when that pull does not trim. */
  lemma StartingReleasePlaysIff(b: Buffer, r: u32)
    requires HoldsRelease(b, r) && Keyed(b) && MinKey(b.frames.Keys) == r
    requires b.nextSeq.None? || b.nextSeq == Some(r)
    ensures (exists k: nat :: PlaysAt(b, r, k)) <==> !TrimsNow(b)
  {
    assert !Waits(b);
    hide Buffer.Pull, Waits, TrimsNow, HoldsRelease;
    if TrimsNow(b) {
      forall k: nat
        ensures !PlaysAt(b, r, k)
      {
        TrimmedIsLost(b, r, k);
      }
    } else {
      FirstPlays(b, r);
      assert PlaysAt(b, r, 0);
    }
  }

  lemma TrimmedIsLost(b: Buffer, r: u32, k: nat)
    requires Keyed(b) && r in b.frames && TakenByTrim(b, r)
    ensures !PlaysAt(b, r, k)
  {
    PullAndFrame(b, r);
    if k > 0 {
      OnePullOn(b, r, k);
    }
    hide Buffer.Pull, TakenByTrim;
  }

  lemma FirstPlays(b: Buffer, r: u32)
    requires r in b.frames && !Waits(b) && !TrimsNow(b) && MinKey(b.frames.Keys) == r
    requires b.nextSeq.None? || b.nextSeq == Some(r)
    ensures b.Pull().1 == Played(b.frames[r])
  {
    PullShape(b);
  }
}

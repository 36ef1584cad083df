/**
 The client's half of acknowledged controls: a queue of controls under their numbers, each with the
 time of its next repeat and the repeats it has had. Times are in nanoseconds.
 */
module ControlSending {
  import opened Options
  import opened SerialNumbers
  import opened Wire

  const MILLISECOND := 1_000_000
  const MAX_REPEATS := 4
  const FIRST_REPEAT_MIN := 100 * MILLISECOND
  const FIRST_REPEAT_MAX := 500 * MILLISECOND
  const REPEAT_WINDOW := 500 * 15 * MILLISECOND

  datatype Pending = Pending(
    key: ControlKey, number: u32, sentAt: nat, bytes: seq<u8>, nextAt: nat, wait: nat, repeats: nat)

  datatype Due = Due(resend: seq<seq<u8>>, givenUp: seq<ControlKey>)

  datatype Sender = Sender(
    nextSeq: nonzero, sessionFirst: nonzero, pending: seq<Pending>, serverAcknowledges: bool,
    sent: nat, repeated: nat, givenUp: nat)
  {
    static function StartingAt(number: u32): Sender {
      var first := if number == 0 then 1 else number;
      Sender(first, first, [], false, 0, 0, 0)
    }

    predicate SentThisSession(number: u32) {
      WrappingSub(number, sessionFirst) < WrappingSub(nextSeq, sessionFirst)
    }

    function Send(packet: seq<u8>, now: nat, rtt: nat): (Sender, seq<u8>) {
      var bytes := packet + ToBytes(nextSeq);
      match NumberedControl(bytes)
      case None => (this, packet)
      case Some((key, _)) =>
        var wait := FirstWait(rtt);
        var p := Pending(key, nextSeq, now, bytes, now + wait, wait, 0);
        (this.(nextSeq := NextNumber(nextSeq), pending := Swept(Replace(key), pending) + [p], sent := sent + 1),
         bytes)
    }

    function Acknowledged(number: u32, now: nat): Sender {
      if !SentThisSession(number) then this
      else this.(serverAcknowledges := true,
                 pending := Swept(Acknowledge(number, !serverAcknowledges, now), pending))
    }

    function DueAt(now: nat): (Sender, Due) {
      if !serverAcknowledges then
        (this.(pending := Swept(LetGo(now), pending)), Due([], []))
      else
        var due := DueFrom(pending, now);
        (this.(pending := Swept(Repeat(now), pending),
               repeated := repeated + |due.resend|,
               givenUp := givenUp + |due.givenUp|),
         due)
    }

    function SessionEnded(): Sender {
      this.(pending := [], serverAcknowledges := false, sessionFirst := nextSeq)
    }
  }

  function FirstWait(rtt: nat): (wait: nat)
    ensures FIRST_REPEAT_MIN <= wait <= FIRST_REPEAT_MAX
  {
    var w := rtt * 3 / 2;
    if w < FIRST_REPEAT_MIN then FIRST_REPEAT_MIN else if w > FIRST_REPEAT_MAX then FIRST_REPEAT_MAX else w
  }

  /** One and a half round trips, to the nanosecond, between the two limits. */
  lemma FirstWaitFollowsRoundTrip(rtt: nat)
    ensures var wait := FirstWait(rtt);
            if 3 * rtt < 2 * FIRST_REPEAT_MIN then wait == 100_000_000
            else if 3 * rtt >= 2 * FIRST_REPEAT_MAX then wait == 500_000_000
            else 2 * wait <= 3 * rtt <= 2 * wait + 1
  {
  }

  function Age(now: nat, since: nat): nat {
    if now >= since then now - since else 0
  }

  /** One pass over the queue: what it does to each entry, `None` when the entry leaves. */
  datatype Sweep =
    | Replace(key: ControlKey)
    | Acknowledge(number: u32, restart: bool, now: nat)
    | LetGo(now: nat)
    | Repeat(now: nat)

  function Visit(sweep: Sweep, p: Pending): Option<Pending> {
    match sweep
    case Replace(key) => if p.key == key then None else Some(p)
    case Acknowledge(number, restart, now) =>
      if p.number == number then None
      else if restart then Some(p.(nextAt := now + p.wait))
      else Some(p)
    case LetGo(now) =>
      if p.key.IsAct() && Age(now, p.sentAt) >= REPEAT_WINDOW then None else Some(p)
    case Repeat(now) =>
      if now < p.nextAt then Some(p)
      else if p.repeats >= MAX_REPEATS then None
      else Some(p.(repeats := p.repeats + 1, wait := p.wait * 2, nextAt := now + p.wait * 2))
  }

  function Swept(sweep: Sweep, pending: seq<Pending>): seq<Pending> {
    if pending == [] then []
    else
      var rest := Swept(sweep, pending[..|pending| - 1]);
      match Visit(sweep, pending[|pending| - 1])
      case Some(p) => rest + [p]
      case None => rest
  }

  predicate Repeats(p: Pending, now: nat) {
    now >= p.nextAt && p.repeats < MAX_REPEATS
  }

  predicate GivesUp(p: Pending, now: nat) {
    now >= p.nextAt && p.repeats >= MAX_REPEATS
  }

  /** What `due` hands back from a queue, oldest first. */
  function DueFrom(pending: seq<Pending>, now: nat): Due {
    if pending == [] then Due([], [])
    else
      var rest := DueFrom(pending[..|pending| - 1], now);
      var p := pending[|pending| - 1];
      Due(if Repeats(p, now) then rest.resend + [p.bytes] else rest.resend,
          if GivesUp(p, now) then rest.givenUp + [p.key] else rest.givenUp)
  }

  /**
   What a send puts on the wire, told from the packet: a control with its number behind it, the newest
   in the queue from then on; anything else as it is, leaving the sender untouched.
   */
  lemma SendOnTheWire(s: Sender, packet: seq<u8>, now: nat, rtt: nat)
    ensures var (after, wire) := s.Send(packet, now, rtt);
            if |packet| >= 7 && (packet[2] == 0x04 || (packet[2] == 0x2C && |packet| >= 8)) then
              && wire == packet + ToBytes(s.nextSeq)
              && after.nextSeq == (if s.nextSeq == 0xFFFF_FFFF then 1 else s.nextSeq + 1) && after.sent == s.sent + 1
              && |after.pending| > 0
              && var p := after.pending[|after.pending| - 1];
                 && p.bytes == wire && p.number == s.nextSeq && p.sentAt == now && p.repeats == 0
                 && p.wait == FirstWait(rtt) && p.nextAt == now + p.wait
            else
              wire == packet && after == s
  {
    NumberedIff(packet + ToBytes(s.nextSeq));
    assert |ToBytes(s.nextSeq)| == 4;
    hide NumberedControl, ToBytes, FirstWait, Swept;
  }

  /** What is handed back, oldest first: of one entry its packet when a repeat is due, its key when none is left, and of a queue what its entries give in turn. */
  lemma {:induction false} DueInOrder(older: seq<Pending>, newer: seq<Pending>, p: Pending, now: nat)
    ensures DueFrom([p], now) ==
            if now < p.nextAt then Due([], []) else if p.repeats < 4 then Due([p.bytes], []) else Due([], [p.key])
    ensures var (first, later, all) := (DueFrom(older, now), DueFrom(newer, now), DueFrom(older + newer, now));
            all.resend == first.resend + later.resend && all.givenUp == first.givenUp + later.givenUp
  {
    assert ([p])[..0] == [];
    if newer == [] {
      assert older + newer == older;
    } else {
      var n := |newer| - 1;
      DueInOrder(older, newer[..n], p, now);
      assert (older + newer)[..|older| + n] == older + newer[..n];
    }
  }

  // ---- the repeat schedule of one entry ------------------------------------

  function Pow2(k: nat): (r: nat)
    ensures r >= 1
  {
    if k == 0 then 1 else 2 * Pow2(k - 1)
  }

  lemma Doubling(k: nat, wait: nat)
    ensures Pow2(k) * wait * 2 == Pow2(k + 1) * wait
    ensures (Pow2(k + 1) - 1) * wait + Pow2(k + 1) * wait == (Pow2(k + 2) - 1) * wait
  {
    var d := Pow2(k + 1);
    assert Pow2(k + 2) == 2 * d;
    assert (d - 1) * wait + d * wait == (d - 1 + d) * wait;
  }

  /** `p` after `k` calls of `due`, each made at exactly the moment the entry asked for. */
  function OnTime(p: Pending, k: nat): Option<Pending> {
    if k == 0 then Some(p)
    else
      match OnTime(p, k - 1)
      case None => None
      case Some(q) => Visit(Repeat(q.nextAt), q)
  }

  lemma {:induction false} OnTimeClosed(p: Pending, k: nat)
    requires p.repeats == 0 && p.nextAt == p.sentAt + p.wait && k <= MAX_REPEATS
    ensures OnTime(p, k) ==
            Some(p.(repeats := k, wait := Pow2(k) * p.wait, nextAt := p.sentAt + (Pow2(k + 1) - 1) * p.wait))
  {
    if k > 0 {
      OnTimeClosed(p, k - 1);
      Doubling(k - 1, p.wait);
    }
  }

  /**
   A control polled on time goes out four more times and no more; the last repeat is due
   fifteen first waits after the send, inside `REPEAT_WINDOW`, and it is given up sixteen later.
   */
  lemma RepeatsFitTheWindow(p: Pending, rtt: nat)
    requires p.repeats == 0 && p.wait == FirstWait(rtt) && p.nextAt == p.sentAt + p.wait
    ensures OnTime(p, 3).Some?
    ensures OnTime(p, 3).value.nextAt == p.sentAt + 15 * p.wait <= p.sentAt + REPEAT_WINDOW
    ensures Repeats(OnTime(p, 3).value, OnTime(p, 3).value.nextAt)
    ensures OnTime(p, 4).Some? && OnTime(p, 4).value.nextAt == p.sentAt + 31 * p.wait
    ensures OnTime(p, 5).None?
  {
    OnTimeClosed(p, 3);
    OnTimeClosed(p, 4);
    assert Pow2(4) == 16 && Pow2(5) == 32 by {
      assert Pow2(1) == 2 && Pow2(2) == 4 && Pow2(3) == 8;
    }
  }

  // ---- the queue updated in place ------------------------------------------

  /** `Vec::retain`. */
  function Retain<T>(keep: T -> bool, s: seq<T>): seq<T> {
    if s == [] then []
    else
      var rest := Retain(keep, s[..|s| - 1]);
      if keep(s[|s| - 1]) then rest + [s[|s| - 1]] else rest
  }

  lemma {:induction false} RetainIsSweep(keep: Pending -> bool, sweep: Sweep, from: seq<Pending>, pending: seq<Pending>)
    requires |from| == |pending|
    requires forall i :: 0 <= i < |from| ==>
               Visit(sweep, from[i]) == if keep(pending[i]) then Some(pending[i]) else None
    ensures Retain(keep, pending) == Swept(sweep, from)
  {
    if pending != [] {
      RetainIsSweep(keep, sweep, from[..|from| - 1], pending[..|pending| - 1]);
    }
  }

  class ControlSender {
    var nextSeq: nonzero
    var sessionFirst: nonzero
    var pending: seq<Pending>
    var serverAcknowledges: bool
    var sent: nat
    var repeated: nat
    var givenUp: nat

    function State(): Sender
      reads this
    {
      Sender(nextSeq, sessionFirst, pending, serverAcknowledges, sent, repeated, givenUp)
    }

    constructor StartingAt(number: u32)
      ensures State() == Sender.StartingAt(number)
      ensures nextSeq == sessionFirst == (if number == 0 then 1 else number)
      ensures pending == [] && !serverAcknowledges
    {
      var first := if number == 0 then 1 else number;
      nextSeq := first;
      sessionFirst := first;
      pending := [];
      serverAcknowledges := false;
      sent, repeated, givenUp := 0, 0, 0;
    }

    method Send(packet: seq<u8>, now: nat, rtt: nat) returns (wire: seq<u8>)
      modifies this
      ensures (State(), wire) == old(State()).Send(packet, now, rtt)
    {
      var number := nextSeq;
      var bytes := packet + ToBytes(number);
      match NumberedControl(bytes) {
        case None =>
          return packet;
        case Some((key, _)) =>
          nextSeq := NextNumber(nextSeq);
          sent := sent + 1;
          RetainIsSweep((p: Pending) => p.key != key, Replace(key), pending, pending);
          pending := Retain((p: Pending) => p.key != key, pending);
          var wait := FirstWait(rtt);
          pending := pending + [Pending(key, number, now, bytes, now + wait, wait, 0)];
          return bytes;
      }
    }

    method Acknowledged(number: u32, now: nat)
      modifies this
      ensures State() == old(State()).Acknowledged(number, now)
    {
      if !State().SentThisSession(number) {
        return;
      }
      ghost var was := pending;
      ghost var restart := !serverAcknowledges;
      if !serverAcknowledges {
        serverAcknowledges := true;
        for i := 0 to |pending|
          modifies `pending
          invariant |pending| == |was|
          invariant forall k :: 0 <= k < i ==> pending[k] == was[k].(nextAt := now + was[k].wait)
          invariant forall k :: i <= k < |was| ==> pending[k] == was[k]
        {
          pending := pending[i := pending[i].(nextAt := now + pending[i].wait)];
        }
      }
      RetainIsSweep((p: Pending) => p.number != number, Acknowledge(number, restart, now), was, pending);
      pending := Retain((p: Pending) => p.number != number, pending);
    }

    method DueAt(now: nat) returns (due: Due)
      modifies this
      ensures (State(), due) == old(State()).DueAt(now)
      ensures !old(serverAcknowledges) ==>
                due == Due([], [])
                && forall p :: p in pending && p.key.IsAct() ==> Age(now, p.sentAt) < REPEAT_WINDOW
    {
      if !serverAcknowledges {
        ghost var was := pending;
        var young := (p: Pending) => !p.key.IsAct() || Age(now, p.sentAt) < REPEAT_WINDOW;
        RetainIsSweep(young, LetGo(now), pending, pending);
        pending := Retain(young, pending);
        LetGoKeepsYoung(was, now);
        return Due([], []);
      }
      var resend, givenUpKeys := [], [];
      var keep := [];
      for i := 0 to |pending|
        invariant keep == Swept(Repeat(now), pending[..i])
        invariant Due(resend, givenUpKeys) == DueFrom(pending[..i], now)
      {
        assert pending[..i + 1][..i] == pending[..i];
        var p := pending[i];
        if now < p.nextAt {
          keep := keep + [p];
        } else if p.repeats >= MAX_REPEATS {
          givenUpKeys := givenUpKeys + [p.key];
        } else {
          resend := resend + [p.bytes];
          var wait := p.wait * 2;
          keep := keep + [p.(repeats := p.repeats + 1, wait := wait, nextAt := now + wait)];
        }
      }
      assert pending[..|pending|] == pending;
      pending := keep;
      repeated := repeated + |resend|;
      givenUp := givenUp + |givenUpKeys|;
      due := Due(resend, givenUpKeys);
    }

    method SessionEnded()
      modifies this
      ensures State() == old(State()).SessionEnded()
    {
      pending := [];
      serverAcknowledges := false;
      sessionFirst := nextSeq;
    }

    method TakeCounts() returns (counts: (nat, nat, nat))
      modifies `sent, `repeated, `givenUp
      ensures counts == (old(sent), old(repeated), old(givenUp))
      ensures State() == old(State()).(sent := 0, repeated := 0, givenUp := 0)
    {
      counts := (sent, repeated, givenUp);
      sent, repeated, givenUp := 0, 0, 0;
    }
  }

  /** Against a server that has not acknowledged, no act outlives its repeat window. */
  lemma {:induction false} LetGoKeepsYoung(pending: seq<Pending>, now: nat)
    ensures forall p :: p in Swept(LetGo(now), pending) <==>
                        p in pending && (p.key.IsAct() ==> Age(now, p.sentAt) < REPEAT_WINDOW)
  {
    if pending != [] {
      var n := |pending| - 1;
      LetGoKeepsYoung(pending[..n], now);
      assert pending == pending[..n] + [pending[n]];
    }
  }
}

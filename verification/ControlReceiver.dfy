/**
 The server side of acknowledged controls: a setting is applied only when its number is
 serially newer than the last one applied for the same setting; an act is done once per
 number, out of a bounded memory.
 */
module ControlReceiving {
  import opened Collections
  import opened SerialNumbers
  import opened Wire

  const ACTS_REMEMBERED := 64

  datatype Verdict = Apply | Repeat | Stale

  datatype Receiver = Receiver(lastApplied: map<ControlKey, u32>, acts: seq<u32>, actsSeen: set<u32>)
  {
    function Judge(key: ControlKey, number: u32): (Receiver, Verdict) {
      if key.IsAct() then
        if number in actsSeen then (this, Repeat)
        else if |acts| == ACTS_REMEMBERED then
          (this.(acts := acts[1..] + [number], actsSeen := actsSeen - {acts[0]} + {number}), Apply)
        else
          (this.(acts := acts + [number], actsSeen := actsSeen + {number}), Apply)
      else if key in lastApplied && number == lastApplied[key] then (this, Repeat)
      else if key in lastApplied && SeriallyOlder(number, lastApplied[key]) then (this, Stale)
      else (this.(lastApplied := lastApplied[key := number]), Apply)
    }
  }

  const Fresh := Receiver(map[], [], {})

  // ---- any sequence of deliveries ------------------------------------------

  type Delivery = (ControlKey, u32)

  function After(r: Receiver, deliveries: seq<Delivery>): Receiver {
    if deliveries == [] then r
    else
      var d := deliveries[|deliveries| - 1];
      After(r, deliveries[..|deliveries| - 1]).Judge(d.0, d.1).0
  }

  /** What the server says of the delivery at `i`. */
  function VerdictAt(deliveries: seq<Delivery>, i: nat): Verdict
    requires i < |deliveries|
  {
    After(Fresh, deliveries[..i]).Judge(deliveries[i].0, deliveries[i].1).1
  }

  /** The settings among the deliveries all lie within half the number space after `base`. */
  predicate InHalfWindow(base: u32, deliveries: seq<Delivery>) {
    forall d :: d in deliveries && !d.0.IsAct() ==> WrappingSub(d.1, base) < HALF
  }

  predicate IsNewest(base: u32, deliveries: seq<Delivery>, key: ControlKey, number: u32) {
    && (key, number) in deliveries
    && forall d :: d in deliveries && d.0 == key ==> WrappingSub(d.1, base) <= WrappingSub(number, base)
  }

  /**
   Whatever the order and however often each arrives, the server ends up holding, for every
   setting delivered, the serially newest number delivered for it - and nothing else.
   */
  lemma {:induction false} HoldsTheNewest(base: u32, deliveries: seq<Delivery>, key: ControlKey)
    requires InHalfWindow(base, deliveries)
    ensures var held := After(Fresh, deliveries).lastApplied;
            && (key in held <==> !key.IsAct() && exists d :: d in deliveries && d.0 == key)
            && (key in held ==> IsNewest(base, deliveries, key, held[key]))
  {
    if deliveries != [] {
      var before := deliveries[..|deliveries| - 1];
      var d := deliveries[|deliveries| - 1];
      assert deliveries == before + [d];
      HoldsTheNewest(base, before, key);
      var held := After(Fresh, before).lastApplied;
      if d.0 == key && !key.IsAct() {
        assert d in deliveries;
        if key in held {
          assert (key, held[key]) in deliveries;
          HalfWindowOrder(base, d.1, held[key]);
        }
      } else if key in held {
        assert (key, held[key]) in deliveries;
      }
    }
  }

  /** The same settings delivered in another order, or more than once, leave the same state. */
  lemma OrderIndependent(base: u32, one: seq<Delivery>, other: seq<Delivery>)
    requires InHalfWindow(base, one)
    requires forall d: Delivery :: !d.0.IsAct() ==> (d in one <==> d in other)
    ensures After(Fresh, one).lastApplied == After(Fresh, other).lastApplied
  {
    var a, b := After(Fresh, one).lastApplied, After(Fresh, other).lastApplied;
    forall key
      ensures key in a <==> key in b
      ensures key in a && key in b ==> a[key] == b[key]
    {
      HoldsTheNewest(base, one, key);
      HoldsTheNewest(base, other, key);
      if key in a {
        var d :| d in one && d.0 == key;
        assert d in other;
      }
      if key in b {
        var d :| d in other && d.0 == key;
        assert d in one;
      }
      if key in a && key in b {
        assert (key, a[key]) in other && (key, b[key]) in one;
        HalfWindowOrder(base, a[key], b[key]);
      }
    }
  }

  /**
   A setting is applied exactly when it is newer than every number of the same setting
   delivered before it, so what is applied strictly increases: a late "on" after "off" is
   not applied.
   */
  lemma AppliedIffNewest(base: u32, deliveries: seq<Delivery>, i: nat)
    requires InHalfWindow(base, deliveries) && i < |deliveries| && !deliveries[i].0.IsAct()
    ensures VerdictAt(deliveries, i) == Apply <==>
            forall j :: 0 <= j < i && deliveries[j].0 == deliveries[i].0 ==>
                          WrappingSub(deliveries[j].1, base) < WrappingSub(deliveries[i].1, base)
  {
    var (key, number) := deliveries[i];
    var before := deliveries[..i];
    HoldsTheNewest(base, before, key);
    var held := After(Fresh, before).lastApplied;
    if key in held {
      var j :| 0 <= j < i && before[j] == (key, held[key]);
      assert deliveries[j] == (key, held[key]);
      HalfWindowOrder(base, number, held[key]);
      forall j | 0 <= j < i && deliveries[j].0 == key
        ensures WrappingSub(deliveries[j].1, base) <= WrappingSub(held[key], base)
      {
        assert before[j] == deliveries[j];
      }
    } else {
      forall j | 0 <= j < i
        ensures deliveries[j].0 != key
      {
        assert before[j] == deliveries[j] && before[j] in before;
      }
    }
  }

  // ---- acts ------------------------------------------------------------------

  /** The numbers of the acts applied by `deliveries`, oldest first, without any bound. */
  function ActsApplied(deliveries: seq<Delivery>): seq<u32> {
    if deliveries == [] then []
    else
      var n := |deliveries| - 1;
      var before := ActsApplied(deliveries[..n]);
      if deliveries[n].0.IsAct() && VerdictAt(deliveries, n) == Apply then before + [deliveries[n].1] else before
  }

  predicate NoDuplicates<T(==)>(s: seq<T>) {
    forall i, j :: 0 <= i < j < |s| ==> s[i] != s[j]
  }

  lemma LastOfPush<T>(s: seq<T>, n: nat, x: T)
    requires n > 0
    ensures LastOf(s + [x], n) == (if |LastOf(s, n)| == n then LastOf(s, n)[1..] else LastOf(s, n)) + [x]
  {
  }

  lemma PushedAct(r: Receiver, key: ControlKey, number: u32)
    requires key.IsAct() && number !in r.actsSeen
    requires NoDuplicates(r.acts) && r.actsSeen == (set n | n in r.acts) && |r.acts| <= ACTS_REMEMBERED
    ensures var after := r.Judge(key, number).0;
            && after.acts == (if |r.acts| == ACTS_REMEMBERED then r.acts[1..] else r.acts) + [number]
            && NoDuplicates(after.acts)
            && after.actsSeen == (set n | n in after.acts)
  {
    if |r.acts| == ACTS_REMEMBERED {
      assert r.acts == [r.acts[0]] + r.acts[1..];
      assert r.acts[0] !in r.acts[1..];
    }
  }

  /** The bounded queue is the tail of the unbounded history, and the set is the queue. */
  lemma {:induction false} ActMemory(deliveries: seq<Delivery>)
    ensures var r := After(Fresh, deliveries);
            && r.acts == LastOf(ActsApplied(deliveries), 64)
            && NoDuplicates(r.acts)
            && r.actsSeen == (set n | n in r.acts)
  {
    if deliveries != [] {
      var n := |deliveries| - 1;
      ActMemory(deliveries[..n]);
      var r := After(Fresh, deliveries[..n]);
      var (key, number) := deliveries[n];
      if key.IsAct() && number !in r.actsSeen {
        LastOfPush(ActsApplied(deliveries[..n]), ACTS_REMEMBERED, number);
        PushedAct(r, key, number);
      }
    }
  }

  /**
   An act is a copy exactly when it is among the last 64 applied, and is otherwise done: it is
   never stale, whatever arrived before it. So between two times the same number is applied
   lie at least 64 other acts.
   */
  lemma ActDoneOnce(deliveries: seq<Delivery>, i: nat)
    requires i < |deliveries| && deliveries[i].0.IsAct()
    ensures VerdictAt(deliveries, i) ==
            if deliveries[i].1 in LastOf(ActsApplied(deliveries[..i]), 64) then Repeat else Apply
  {
    ActMemory(deliveries[..i]);
  }

  /** In the history itself: equal numbers are more than 64 acts apart. */
  lemma {:induction false} SameActFarApart(deliveries: seq<Delivery>, i: nat, j: nat)
    requires i < j < |ActsApplied(deliveries)|
    requires ActsApplied(deliveries)[i] == ActsApplied(deliveries)[j]
    ensures j - i > 64
  {
    var n := |deliveries| - 1;
    var before := ActsApplied(deliveries[..n]);
    if j < |before| {
      SameActFarApart(deliveries[..n], i, j);
    } else {
      assert deliveries[..n + 1] == deliveries;
      ActDoneOnce(deliveries, n);
      var tail := LastOf(before, ACTS_REMEMBERED);
      forall k | |before| - |tail| <= k < |before|
        ensures before[k] != deliveries[n].1
      {
        assert tail[k - (|before| - |tail|)] == before[k];
      }
    }
  }

  // ---- the receiver as the server holds it -----------------------------------

  class ControlReceiver {
    var lastApplied: map<ControlKey, u32>
    var acts: seq<u32>
    var actsSeen: set<u32>

    function State(): Receiver
      reads this
    {
      Receiver(lastApplied, acts, actsSeen)
    }

    constructor ()
      ensures State() == Fresh
    {
      lastApplied, acts, actsSeen := map[], [], {};
    }

    method Judge(key: ControlKey, number: u32) returns (verdict: Verdict)
      modifies this
      ensures (State(), verdict) == old(State()).Judge(key, number)
    {
      if key.IsAct() {
        if number in actsSeen {
          return Repeat;
        }
        if |acts| == ACTS_REMEMBERED {
          var oldest := acts[0];
          acts := acts[1..];
          actsSeen := actsSeen - {oldest};
        }
        acts := acts + [number];
        actsSeen := actsSeen + {number};
        return Apply;
      }
      if key in lastApplied && number == lastApplied[key] {
        return Repeat;
      }
      if key in lastApplied && SeriallyOlder(number, lastApplied[key]) {
        return Stale;
      }
      lastApplied := lastApplied[key := number];
      return Apply;
    }

    method Reset()
      modifies this
      ensures State() == Fresh
    {
      lastApplied, acts, actsSeen := map[], [], {};
    }
  }
}

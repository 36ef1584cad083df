/**
 32-bit sequence numbers: wrapping arithmetic, the serial order of section 3.2 of
 RFC 1982, and the numbers a sender issues (zero is never one of them).
 */
module SerialNumbers {
  const MODULUS := 0x1_0000_0000
  const HALF := 0x8000_0000
  /** How many different numbers there are before they repeat: all but zero. */
  const CYCLE := MODULUS - 1

  type u32 = x: int | 0 <= x < 0x1_0000_0000
  type nonzero = x: u32 | x != 0 witness 1
  type u8 = x: int | 0 <= x < 0x100

  function WrappingSub(a: u32, b: u32): u32 {
    if a >= b then a - b else a - b + MODULUS
  }

  function WrappingAddOne(a: u32): u32 {
    if a == MODULUS - 1 then 0 else a + 1
  }

  /** The number after `a` on a sender: `wrapping_add(1).max(1)`. */
  function NextNumber(a: u32): nonzero {
    if a == MODULUS - 1 then 1 else a + 1
  }

  /** `(a.wrapping_sub(b) as i32) < 0`: the top bit of the difference is set. */
  predicate SeriallyOlder(a: u32, b: u32) {
    WrappingSub(a, b) >= HALF
  }

  /** Inside one half of the number space the serial order is the order of the offsets. */
  lemma HalfWindowOrder(base: u32, a: u32, b: u32)
    requires WrappingSub(a, base) < HALF && WrappingSub(b, base) < HALF
    ensures SeriallyOlder(a, b) <==> WrappingSub(a, base) < WrappingSub(b, base)
    ensures a == b <==> WrappingSub(a, base) == WrappingSub(b, base)
  {
  }

  /** The `k`-th number issued by a sender that starts at `first`. */
  function Number(first: nonzero, k: nat): nonzero
  {
    if k == 0 then first else NextNumber(Number(first, k - 1))
  }

  lemma {:induction false} NumberClosed(first: nonzero, k: nat)
    requires k < CYCLE
    ensures Number(first, k) == if first + k < MODULUS then first + k else first + k - CYCLE
  {
    if k > 0 {
      NumberClosed(first, k - 1);
    }
  }

  lemma {:induction false} NumberSplit(first: nonzero, i: nat, d: nat)
    ensures Number(first, i + d) == Number(Number(first, i), d)
  {
    if d > 0 {
      NumberSplit(first, i, d - 1);
    }
  }

  /** How far apart two issued numbers are: the sends between them, and one more across zero. */
  lemma NumberDistance(first: nonzero, i: nat, j: nat)
    requires i <= j < i + CYCLE
    ensures WrappingSub(Number(first, j), Number(first, i)) ==
            if Number(first, i) + (j - i) < MODULUS then j - i else j - i + 1
  {
    NumberSplit(first, i, j - i);
    NumberClosed(Number(first, i), j - i);
  }

  /** A number comes back after exactly `CYCLE` sends, and not before. */
  lemma NumberPeriod(first: nonzero, i: nat)
    ensures Number(first, i + CYCLE) == Number(first, i)
  {
    NumberSplit(first, i, CYCLE - 1);
    NumberClosed(Number(first, i), CYCLE - 1);
    assert Number(first, i + CYCLE) == NextNumber(Number(first, i + (CYCLE - 1)));
  }

  lemma NumbersDistinct(first: nonzero, i: nat, j: nat)
    requires i < j < i + CYCLE
    ensures Number(first, i) != Number(first, j)
  {
    NumberDistance(first, i, j);
  }

  /** The largest difference in issue order at which serial order is sure to agree with it. */
  const NEAR := HALF - 2

  predicate Near(i: nat, j: nat) {
    -NEAR <= i - j <= NEAR
  }

  /** Two numbers issued near each other compare in the order they were issued. */
  lemma IssueOrder(first: nonzero, i: nat, j: nat)
    requires Near(i, j)
    ensures SeriallyOlder(Number(first, i), Number(first, j)) <==> i < j
    ensures Number(first, i) == Number(first, j) <==> i == j
  {
    if i <= j {
      NumberDistance(first, i, j);
    } else {
      NumberDistance(first, j, i);
    }
  }

  /** Exactly when a later number is not taken for an older one: less than half the space ahead. */
  lemma LaterIsNewerIff(first: nonzero, i: nat, j: nat)
    requires i < j < i + CYCLE
    ensures !SeriallyOlder(Number(first, j), Number(first, i)) <==>
            (if Number(first, i) + (j - i) < MODULUS then j - i < HALF else j - i < HALF - 1)
  {
    NumberDistance(first, i, j);
  }

  /**
   The interval test of `sent_this_session`. With `n` numbers issued, the session begun at
   send `s`, and fewer than `CYCLE` sends in it, a number issued among the last `CYCLE` is
   inside the interval exactly when its send belongs to this session.
   */
  lemma SessionIntervalExact(first: nonzero, s: nat, n: nat, i: nat)
    requires s <= n < s + CYCLE && i < n <= i + CYCLE
    ensures WrappingSub(Number(first, i), Number(first, s)) < WrappingSub(Number(first, n), Number(first, s))
            <==> s <= i
  {
    NumberDistance(first, s, n);
    if s <= i {
      NumberDistance(first, s, i);
    } else if s < n {
      NumberDistance(first, i, s);
      if n < i + CYCLE {
        NumberDistance(first, i, n);
      } else {
        NumberPeriod(first, i);
      }
    }
  }

  /** At `CYCLE` sends in one session the interval is empty and no number of it counts. */
  lemma FullSessionAcknowledgesNothing(first: nonzero, s: nat, x: u32)
    ensures !(WrappingSub(x, Number(first, s)) < WrappingSub(Number(first, s + CYCLE), Number(first, s)))
  {
    NumberPeriod(first, s);
  }
}

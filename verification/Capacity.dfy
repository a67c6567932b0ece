/** The capacity of the deque: TaskDeque::roundUpPow2 and the index mask. */
module Capacity {
  import opened Bits
  import TaskDeque

  ghost predicate IsPowerOfTwo(x: nat) { exists k: nat :: x == Pow2(k) }

  /** `isPow2`, the test x != 0 && (x & (x - 1)) == 0. */
  predicate TestPow2(x: nat) { x != 0 && And(x, x - 1) == 0 }

  lemma {:induction false} AndSelf(x: nat)
    ensures And(x, x) == x
  {
    if x != 0 { AndSelf(x / 2); }
  }

  /** The bit trick recognises exactly the powers of two. */
  lemma {:induction false} TestPow2Exact(x: nat)
    ensures TestPow2(x) <==> IsPowerOfTwo(x)
  {
    if x == 0 {
    } else if x == 1 {
      assert x == Pow2(0);
    } else if x % 2 == 1 {
      assert x / 2 == (x - 1) / 2;
      AndSelf(x / 2);
      assert forall k: nat :: Pow2(k) == x ==> k > 0;
    } else {
      assert (x - 1) / 2 == x / 2 - 1;
      TestPow2Exact(x / 2);
      if IsPowerOfTwo(x / 2) {
        var k: nat :| x / 2 == Pow2(k);
        assert x == Pow2(k + 1);
      }
      if IsPowerOfTwo(x) {
        var k: nat :| x == Pow2(k);
        assert x / 2 == Pow2(k - 1);
      }
    }
  }

  lemma {:induction false} Pow2Monotone(i: nat, j: nat)
    requires i <= j
    ensures Pow2(i) <= Pow2(j)
  {
    if i < j { Pow2Monotone(i, j - 1); }
  }

  lemma LeastPow2(x: nat, k: nat)
    requires k > 0 && Pow2(k - 1) < x
    ensures forall q :: IsPowerOfTwo(q) && x <= q ==> Pow2(k) <= q
  {
    forall q | IsPowerOfTwo(q) && x <= q ensures Pow2(k) <= q {
      var m: nat :| q == Pow2(m);
      if m < k { Pow2Monotone(m, k - 1); }
      else { Pow2Monotone(k, m); }
    }
  }

  /** `p <<= 1` on a word of 64 bits. */
  function Doubled(p: nat): nat { if 2 * p < Pow2(64) then 2 * p else 2 * p - Pow2(64) }

  /** The word p of roundUpPow2 after k turns of its loop. */
  function AfterTurns(k: nat): nat { if k == 0 then 1 else Doubled(AfterTurns(k - 1)) }

  lemma {:induction false} TurnsExact(k: nat)
    ensures AfterTurns(k) == if k < 64 then Pow2(k) else 0
  {
    if k > 0 {
      TurnsExact(k - 1);
      if k < 64 { Pow2Monotone(k, 63); }
    }
  }

  /** The loop of roundUpPow2 ends exactly when x is at most 2^63: beyond that the word
      becomes zero and stays zero. */
  lemma LoopEndsExactly(x: nat)
    requires 2 <= x
    ensures (exists k: nat :: x <= AfterTurns(k)) <==> x <= Pow2(63)
  {
    TurnsExact(63);
    if k: nat :| x <= AfterTurns(k) {
      TurnsExact(k);
      if k < 64 { Pow2Monotone(k, 63); }
    }
  }

  /** roundUpPow2 returns the least power of two that is at least 2 and at least x, when
      it returns. */
  method RoundUpPow2(x: nat) returns (p: nat)
    requires x <= Pow2(63)
    ensures 2 <= p && x <= p && IsPowerOfTwo(p) && p <= Pow2(63)
    ensures forall q :: IsPowerOfTwo(q) && 2 <= q && x <= q ==> p <= q
  {
    if x < 2 {
      assert Pow2(1) == 2;
      Pow2Monotone(1, 63);
      return 2;
    }
    TestPow2Exact(x);
    if TestPow2(x) { return x; }
    p := 1;
    ghost var k := 0;
    while p < x
      invariant p == Pow2(k) && k <= 63
      invariant k > 0 ==> Pow2(k - 1) < x
      decreases x - p
    {
      assert k != 63;
      p := p * 2;
      k := k + 1;
    }
    LeastPow2(x, k);
    Pow2Monotone(k, 63);
  }

  /** For a power-of-two capacity the mask `i & (capacity - 1)` is the slot of i. */
  lemma {:induction false} SlotIsMask(i: nat, k: nat)
    ensures TaskDeque.Slot(i, Pow2(k)) == And(i, Pow2(k) - 1)
    decreases i
  {
    AndMask(i, k);
    if i < Pow2(k) {
      LowSmall(i, k);
    } else {
      SlotIsMask(i - Pow2(k), k);
      AndMask(i - Pow2(k), k);
      LowMinus(i, k);
    }
  }
}

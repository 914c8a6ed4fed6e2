/** Bitwise operations on natural numbers, defined one bit at a time. */
module Bits {

  function Pow2(n: nat): (r: nat)
    ensures r >= 1
  {
    if n == 0 then 1 else 2 * Pow2(n - 1)
  }

  /** Bit k of v (bit 0 is the least significant). */
  predicate Bit(v: nat, k: nat)
  {
    if k == 0 then v % 2 == 1 else Bit(v / 2, k - 1)
  }

  /** Bitwise OR (C's `|`). */
  function Or(a: nat, b: nat): nat
    decreases a + b
  {
    if a == 0 && b == 0 then 0
    else 2 * Or(a / 2, b / 2) + (if a % 2 == 1 || b % 2 == 1 then 1 else 0)
  }

  /** Bitwise AND (C's `&`). */
  function And(a: nat, b: nat): nat
    decreases a
  {
    if a == 0 || b == 0 then 0
    else 2 * And(a / 2, b / 2) + (if a % 2 == 1 && b % 2 == 1 then 1 else 0)
  }

  lemma Pow2Values()
    ensures Pow2(8) == 0x100 && Pow2(32) == 0x1_0000_0000
  {
    assert Pow2(8) == 0x100;
    assert Pow2(16) == 0x1_0000;
    assert Pow2(24) == 0x100_0000;
  }

  /** Bitwise complement of an n-bit word (C's `~`). */
  function Not(a: nat, n: nat): nat
    requires a < Pow2(n)
  {
    Pow2(n) - 1 - a
  }

  lemma {:induction false} BitOr(a: nat, b: nat, k: nat)
    ensures Bit(Or(a, b), k) == (Bit(a, k) || Bit(b, k))
    decreases k
  {
    if a == 0 && b == 0 {
      ZeroHasNoBits(k);
    } else if k > 0 {
      BitOr(a / 2, b / 2, k - 1);
    }
  }

  lemma {:induction false} BitAnd(a: nat, b: nat, k: nat)
    ensures Bit(And(a, b), k) == (Bit(a, k) && Bit(b, k))
    decreases k
  {
    if a == 0 || b == 0 {
      ZeroHasNoBits(k);
    } else if k > 0 {
      BitAnd(a / 2, b / 2, k - 1);
    }
  }

  lemma {:induction false} ZeroHasNoBits(k: nat)
    ensures !Bit(0, k)
  {
    if k > 0 { ZeroHasNoBits(k - 1); }
  }

  lemma {:induction false} BitNot(a: nat, n: nat, k: nat)
    requires a < Pow2(n) && k < n
    ensures Bit(Not(a, n), k) == !Bit(a, k)
    decreases n
  {
    if k > 0 {
      assert Not(a, n) / 2 == Not(a / 2, n - 1);
      BitNot(a / 2, n - 1, k - 1);
    }
  }

  lemma {:induction false} OrBound(a: nat, b: nat, n: nat)
    requires a < Pow2(n) && b < Pow2(n)
    ensures Or(a, b) < Pow2(n)
    decreases n
  {
    if n > 0 && !(a == 0 && b == 0) {
      OrBound(a / 2, b / 2, n - 1);
    }
  }

  lemma {:induction false} AndBound(a: nat, b: nat)
    ensures And(a, b) <= a
    decreases a
  {
    if a != 0 && b != 0 {
      AndBound(a / 2, b / 2);
    }
  }

  lemma {:induction false} BitPow2(j: nat, k: nat)
    ensures Bit(Pow2(j), k) == (j == k)
    decreases j
  {
    if j == 0 {
      if k > 0 { ZeroHasNoBits(k - 1); }
    } else if k == 0 {
    } else {
      BitPow2(j - 1, k - 1);
    }
  }

  /** Bits at or above n of a number below 2^n are clear. */
  lemma {:induction false} BitAbove(v: nat, n: nat, k: nat)
    requires v < Pow2(n) && n <= k
    ensures !Bit(v, k)
    decreases n
  {
    if n == 0 {
      ZeroHasNoBits(k);
    } else {
      BitAbove(v / 2, n - 1, k - 1);
    }
  }

  /** Keeping the low n bits (C's truncating cast to an n-bit type). */
  lemma {:induction false} BitMod(v: nat, n: nat, k: nat)
    ensures Bit(v % Pow2(n), k) == (k < n && Bit(v, k))
    decreases n
  {
    if n == 0 {
      ZeroHasNoBits(k);
    } else {
      var p := Pow2(n - 1);
      var q, s := v / 2, (v / 2) % p;
      assert v == 2 * (p * (q / p) + s) + v % 2;
      assert v == (2 * p) * (q / p) + (2 * s + v % 2);
      ModUnique(v, 2 * p, q / p, 2 * s + v % 2);
      if k > 0 {
        assert (v % Pow2(n)) / 2 == s;
        BitMod(v / 2, n - 1, k - 1);
      }
    }
  }

  lemma ModUnique(v: nat, d: nat, t: nat, x: nat)
    requires d > 0 && x < d && v == d * t + x
    ensures v % d == x
  {
    var q, r := v / d, v % d;
    assert d * q + r == d * t + x;
    if q < t {
      assert d * (t - q) == d * t - d * q;
      MulAtLeast(d, t - q);
    } else if t < q {
      assert d * (q - t) == d * q - d * t;
      MulAtLeast(d, q - t);
    }
  }

  lemma MulAtLeast(d: nat, k: nat)
    requires k >= 1
    ensures d * k >= d
  {
  }

  /** AND with a single bit isolates that bit. */
  lemma {:induction false} AndPow2(v: nat, j: nat)
    ensures And(v, Pow2(j)) == if Bit(v, j) then Pow2(j) else 0
    decreases j
  {
    if v == 0 {
      ZeroHasNoBits(j);
    } else if j > 0 {
      AndPow2(v / 2, j - 1);
    }
  }

  lemma {:induction false} Pow2Monotone(i: nat, j: nat)
    requires i < j
    ensures Pow2(i) < Pow2(j)
    decreases j
  {
    if i < j - 1 { Pow2Monotone(i, j - 1); }
  }

  lemma {:induction false} OrZero(b: nat)
    ensures Or(0, b) == b
    decreases b
  {
    if b != 0 { OrZero(b / 2); }
  }
}

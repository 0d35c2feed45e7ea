/** Bitwise operations of unsigned words, on naturals. */
module Bits {

  function Pow2(n: nat): (p: nat)
    ensures p > 0
  {
    if n == 0 then 1 else 2 * Pow2(n - 1)
  }

  lemma {:induction false} Pow2Add(a: nat, b: nat)
    ensures Pow2(a + b) == Pow2(a) * Pow2(b)
    decreases b
  {
    if b != 0 {
      Pow2Add(a, b - 1);
      var p, q := Pow2(a), Pow2(b - 1);
      assert p * (2 * q) == 2 * (p * q);
    }
  }

  function Xor(a: nat, b: nat): nat
    decreases a + b
  {
    if a == 0 && b == 0 then 0 else 2 * Xor(a / 2, b / 2) + (a % 2 + b % 2) % 2
  }

  function Or(a: nat, b: nat): nat
    decreases a + b
  {
    if a == 0 && b == 0 then 0 else 2 * Or(a / 2, b / 2) + if a % 2 + b % 2 == 0 then 0 else 1
  }

  lemma {:induction false} OrLower(a: nat, b: nat)
    ensures Or(a, b) >= a && Or(a, b) >= b
    decreases a + b
  {
    if a != 0 || b != 0 {
      OrLower(a / 2, b / 2);
    }
  }

  lemma {:induction false} OrBound(a: nat, b: nat, n: nat)
    requires a < Pow2(n) && b < Pow2(n)
    ensures Or(a, b) < Pow2(n)
    decreases n
  {
    if n != 0 {
      OrBound(a / 2, b / 2, n - 1);
    }
  }

  function Shr(a: nat, n: nat): nat
    decreases n
  {
    if n == 0 then a else Shr(a / 2, n - 1)
  }

  /** The bits from n upwards of a xor are the xor of those bits. */
  lemma {:induction false} XorHigh(a: nat, b: nat, n: nat)
    ensures Shr(Xor(a, b), n) == Xor(Shr(a, n), Shr(b, n))
    decreases n
  {
    if n != 0 {
      XorHalf(a, b);
      XorHigh(a / 2, b / 2, n - 1);
    }
  }

  lemma XorHalf(a: nat, b: nat)
    ensures Xor(a, b) / 2 == Xor(a / 2, b / 2)
  {
  }

  /** Shifting right divides by a power of two. */
  lemma {:induction false} ShrBounds(a: nat, n: nat)
    ensures Shr(a, n) * Pow2(n) <= a < (Shr(a, n) + 1) * Pow2(n)
    decreases n
  {
    if n != 0 {
      ShrBounds(a / 2, n - 1);
      Twice(Shr(a, n), Pow2(n - 1), a);
    }
  }

  lemma Twice(k: nat, p: nat, a: nat)
    requires k * p <= a / 2 < (k + 1) * p
    ensures k * (2 * p) <= a < (k + 1) * (2 * p)
  {
    var low, high := k * p, (k + 1) * p;
    assert k * (2 * p) == 2 * low;
    assert (k + 1) * (2 * p) == 2 * high;
  }
}

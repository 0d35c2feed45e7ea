/** Bytes, and unsigned numbers in the memory order of the servers (little endian). */
module Bytes {

  newtype byte = x: int | 0 <= x < 256

  /** 256 to the power k. */
  function Span(k: nat): (p: nat)
    ensures p > 0
  {
    if k == 0 then 1 else 256 * Span(k - 1)
  }

  /** The low k bytes of n. */
  function Le(n: nat, k: nat): (b: seq<byte>)
    ensures |b| == k
  {
    if k == 0 then [] else [(n % 256) as byte] + Le(n / 256, k - 1)
  }

  function UnLe(b: seq<byte>): (n: nat)
    ensures n < Span(|b|)
  {
    if b == [] then 0 else b[0] as nat + 256 * UnLe(b[1..])
  }

  lemma {:induction false} LeRoundTrip(n: nat, k: nat)
    requires n < Span(k)
    ensures UnLe(Le(n, k)) == n
  {
    if k != 0 {
      LeRoundTrip(n / 256, k - 1);
      assert Le(n, k)[1..] == Le(n / 256, k - 1);
    }
  }

  /** Byte i has the weight 256 to the power i. */
  lemma {:induction false} LeAt(n: nat, k: nat, i: nat)
    requires i < k
    ensures Le(n, k)[i] as nat == n / Span(i) % 256
    decreases i
  {
    if i > 0 {
      LeAt(n / 256, k - 1, i - 1);
      DivSpan(n, Span(i - 1));
    }
  }

  lemma DivSpan(n: nat, p: nat)
    requires p > 0
    ensures n / 256 / p == n / (256 * p)
  {
    var q, r := n / (256 * p), n % (256 * p);
    assert n == 256 * (p * q) + r;
    assert n / 256 == p * q + r / 256 && r / 256 < p;
    Quotient(n / 256, p, q, r / 256);
  }

  lemma Quotient(n: nat, p: nat, q: nat, r: nat)
    requires n == p * q + r && r < p
    ensures n / p == q
  {
    var d, s := n / p, n % p;
    assert n == p * d + s;
    assert p * (d - q) == p * d - p * q == r - s;
    if d > q {
      AtLeast(p, d - q);
    } else if d < q {
      assert p * (q - d) == -(p * (d - q));
      AtLeast(p, q - d);
    }
  }

  lemma AtLeast(p: nat, k: nat)
    requires k > 0
    ensures p * k >= p
  {
  }

  lemma {:induction false} UnLeAt(b: seq<byte>, i: nat)
    requires i < |b|
    ensures UnLe(b) / Span(i) % 256 == b[i] as nat
    decreases i
  {
    if i > 0 {
      UnLeAt(b[1..], i - 1);
      DivSpan(UnLe(b), Span(i - 1));
      assert UnLe(b) / 256 == UnLe(b[1..]);
    }
  }

  /** A number in two parts is written as its low part, then its high part. */
  lemma {:induction false} LeConcat(a: nat, b: nat, j: nat, k: nat)
    requires a < Span(j)
    ensures Le(a + Span(j) * b, j + k) == Le(a, j) + Le(b, k)
    decreases j
  {
    if j != 0 {
      var n, p := a + Span(j) * b, Span(j - 1);
      assert Span(j) * b == 256 * (p * b);
      assert n % 256 == a % 256 && n / 256 == a / 256 + p * b;
      LeConcat(a / 256, b, j - 1, k);
    }
  }
}
